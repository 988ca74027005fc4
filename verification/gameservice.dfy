/** The game service (SharpJackApi/Services/GameService.cs): a player
    registry and a game store, both lists indexed by id, and the operations
    clients call. The clock is the parameter `now`, in whole seconds. Every
    operation returns the new service state instead of mutating it; a
    failure leaves the state as it was, except where noted. */
module GameService {
  import opened Outcomes
  import opened Models
  import Contracts
  import opened Converters

  /** A game cannot start with fewer participants than this. */
  const MinimumPlayers := 2

  datatype Service = Service(players: seq<Player>, games: seq<Game>)

  /** Every registered player's id is its position in the registry, as
      `AddPlayer` hands them out. */
  ghost predicate IdsArePositions(players: seq<Player>) {
    forall i :: 0 <= i < |players| ==> players[i].id == i
  }

  // ---------------------------------------------------------------- players

  /** Registers a player under the next id, the current registry size. It
      never fails and names need not be unique. */
  function AddPlayer(s: Service, name: string): (r: (Service, Player))
    ensures r.1.id == |s.players| && r.1.name == name
    ensures r.0.players == s.players + [r.1] && r.0.games == s.games
    ensures IdsArePositions(s.players) ==> IdsArePositions(r.0.players)
    ensures IdsArePositions(s.players) ==> FindPlayer(s.players, r.1.id).None?
    ensures FindPlayer(r.0.players, r.1.id).Some?
  {
    var p := Player(|s.players|, name);
    assert (s.players + [p])[|s.players|] == p;
    (s.(players := s.players + [p]), p)
  }

  /** `players[playerId]`: an index into the registry. */
  function GetPlayer(s: Service, playerId: int): (r: Result<Player>)
    ensures r.Success? <==> 0 <= playerId < |s.players|
    ensures r.Success? ==> r.value == s.players[playerId]
    ensures r.Failure? ==> r.error == PlayerNotFound
  {
    if 0 <= playerId < |s.players| then Success(s.players[playerId]) else Failure(PlayerNotFound)
  }

  /** With ids handed out by `AddPlayer`, looking a player up by index and
      searching for it by id agree. */
  lemma GetPlayerFindsById(s: Service, playerId: int)
    requires IdsArePositions(s.players)
    ensures GetPlayer(s, playerId).Success? <==> FindPlayer(s.players, playerId).Some?
    ensures GetPlayer(s, playerId).Success? ==> GetPlayer(s, playerId).value == FindPlayer(s.players, playerId).value
  {
    if 0 <= playerId < |s.players| {
      assert s.players[playerId].id == playerId;
    }
  }

  // ------------------------------------------------------------------ games

  /** `games[gameId]`: an index into the game store. */
  function GetGame(s: Service, gameId: int): (r: Result<Game>)
    ensures r.Success? <==> 0 <= gameId < |s.games|
    ensures r.Success? ==> r.value == s.games[gameId]
    ensures r.Failure? ==> r.error == GameNotFound
  {
    if 0 <= gameId < |s.games| then Success(s.games[gameId]) else Failure(GameNotFound)
  }

  /** A freshly created game: only the creator takes part, with one
      zero-score row; everything else holds its default. */
  function NewGame(id: nat, options: Contracts.GameOptions, creator: nat): Game {
    Game(id, options, Contracts.Created, 0, 0, [creator], LeaderBoard([Row(0, creator)]), None, [], 0)
  }

  /** Creates a game for a registered creator, under the next game id. */
  function CreateGame(s: Service, options: Contracts.GameOptions): (r: Result<(Service, Game)>)
    ensures r.Failure? <==> FindPlayer(s.players, options.playerId).None?
    ensures r.Failure? ==> r.error == PlayerNotFound
    ensures r.Success? ==>
              var (s', g) := r.value;
              && s'.players == s.players && s'.games == s.games + [g]
              && g.id == |s.games| && g.options == options && g.state == Contracts.Created
              && g.players == [options.playerId] && g.board.rows == [Row(0, options.playerId)]
              && g.activeQuestion.None? && g.answers == [] && g.currentRound == 0
  {
    match FindPlayer(s.players, options.playerId)
    case None => Failure(PlayerNotFound)
    case Some(p) =>
      var g := NewGame(|s.games|, options, p.id);
      Success((s.(games := s.games + [g]), g))
  }

  /** Join or start, once the player is known to be registered. The checks
      run in order: a completed game, a full game (more participants than
      the maximum, so a game may reach one more than its maximum), then the
      creator starts the game, a newcomer joins with a zero-score row, and a
      participant who already joined changes nothing. The creator may start
      a game that is already active, which restarts its turn. */
  function JoinOrStart(g: Game, playerId: nat, now: int): (r: Result<Game>)
    ensures g.state == Contracts.Completed ==> r == Failure(GameOver)
    ensures g.state != Contracts.Completed && |g.players| > g.options.maxPlayers ==> r == Failure(GameFull)
    ensures r.Failure? <==>
              || g.state == Contracts.Completed
              || |g.players| > g.options.maxPlayers
              || (playerId == g.options.playerId && |g.players| < MinimumPlayers)
    ensures r.Success? && playerId == g.options.playerId ==>
              r.value == g.(activePlayer := playerId, activeUntil := now + g.options.maxQuestionTime,
                            activeQuestion := None, answers := [], currentRound := 0,
                            state := Contracts.Active)
    ensures r.Success? && playerId != g.options.playerId && playerId !in g.players ==>
              && r.value.players == g.players + [playerId]
              && r.value.board.rows == g.board.rows + [Row(0, playerId)]
              && r.value == g.(players := r.value.players, board := r.value.board)
    ensures r.Success? && playerId != g.options.playerId && playerId in g.players ==> r.value == g
    ensures r.Success? ==> |r.value.players| <= g.options.maxPlayers + 1
  {
    if g.state == Contracts.Completed then Failure(GameOver)
    else if |g.players| > g.options.maxPlayers then Failure(GameFull)
    else if g.options.playerId == playerId then
      if |g.players| < MinimumPlayers then Failure(TooFewPlayers)
      else Success(g.(activePlayer := playerId,
                      activeUntil := now + g.options.maxQuestionTime,
                      activeQuestion := None,
                      answers := [],
                      currentRound := 0,
                      state := Contracts.Active))
    else if playerId !in g.players then
      Success(g.(players := g.players + [playerId],
                 board := LeaderBoard(g.board.rows + [Row(0, playerId)])))
    else Success(g)
  }

  /** `JoinOrStartGameAsync`: the player must be registered and the game
      must exist; only that game changes. */
  function JoinOrStartGame(s: Service, gameId: int, playerId: int, now: int): (r: Result<Service>)
    ensures FindPlayer(s.players, playerId).None? ==> r == Failure(PlayerNotFound)
    ensures FindPlayer(s.players, playerId).Some? && !(0 <= gameId < |s.games|) ==> r == Failure(GameNotFound)
    ensures FindPlayer(s.players, playerId).Some? && 0 <= gameId < |s.games| ==>
              var j := JoinOrStart(s.games[gameId], FindPlayer(s.players, playerId).value.id, now);
              && (j.Failure? ==> r == Failure(j.error))
              && (j.Success? ==> r == Success(s.(games := s.games[gameId := j.value])))
  {
    var p :- FindPlayer(s.players, playerId).ToResult(PlayerNotFound);
    var g :- GetGame(s, gameId);
    var g' :- JoinOrStart(g, p.id, now);
    Success(s.(games := s.games[gameId := g']))
  }

  // -------------------------------------------------------------- questions

  /** The active question as a participant sees it: only its title while
      the answer window is open (`now < activeUntil`), the whole question,
      answer included, once the deadline has passed. */
  function ActiveQuestion(g: Game, playerId: int, now: int): (r: Result<Question>)
    ensures r.Failure? <==> playerId !in g.players || g.state != Contracts.Active || g.activeQuestion.None?
    ensures playerId !in g.players ==> r == Failure(NotYourGame)
    ensures playerId in g.players && g.state != Contracts.Active ==> r == Failure(NotActiveGame)
    ensures r.Failure? && playerId in g.players && g.state == Contracts.Active ==> r.error == NoActiveQuestion
    ensures r.Success? && now < g.activeUntil ==>
              r.value == Question(0, g.activeQuestion.value.title, 0, 0)
    ensures r.Success? && now >= g.activeUntil ==> r.value == g.activeQuestion.value
  {
    if playerId !in g.players then Failure(NotYourGame)
    else if g.state != Contracts.Active then Failure(NotActiveGame)
    else match g.activeQuestion
      case None => Failure(NoActiveQuestion)
      case Some(q) => if now < g.activeUntil then Success(Question(0, q.title, 0, 0)) else Success(q)
  }

  /** `GetActiveQuestionAsync`; it changes nothing. */
  function GetActiveQuestion(s: Service, gameId: int, playerId: int, now: int): (r: Result<Question>)
    ensures FindPlayer(s.players, playerId).None? ==> r == Failure(PlayerNotFound)
    ensures FindPlayer(s.players, playerId).Some? && !(0 <= gameId < |s.games|) ==> r == Failure(GameNotFound)
    ensures FindPlayer(s.players, playerId).Some? && 0 <= gameId < |s.games| ==>
              r == ActiveQuestion(s.games[gameId], playerId, now)
  {
    var _ :- FindPlayer(s.players, playerId).ToResult(PlayerNotFound);
    var g :- GetGame(s, gameId);
    ActiveQuestion(g, playerId, now)
  }

  /** Asking, once the asker is known to be registered: the asker must take
      part, the game must be active, and it must be the asker's turn with
      the deadline not yet passed (asking exactly at the deadline is in
      time). The question is stored and the answer window opens. */
  function Ask(g: Game, q: Question, now: int): (r: Result<Game>)
    ensures r.Failure? <==>
              || q.playerId !in g.players
              || g.state != Contracts.Active
              || g.activePlayer != q.playerId
              || now > g.activeUntil
    ensures q.playerId !in g.players ==> r == Failure(NotYourGame)
    ensures q.playerId in g.players && g.state != Contracts.Active ==> r == Failure(NotActiveGame)
    ensures r.Failure? && q.playerId in g.players && g.state == Contracts.Active ==> r.error == NotYourTurn
    ensures r.Success? ==> r.value == g.(activeQuestion := Some(q), activeUntil := now + g.options.maxAnswerTime)
  {
    if q.playerId !in g.players then Failure(NotYourGame)
    else if g.state != Contracts.Active then Failure(NotActiveGame)
    else if g.activePlayer != q.playerId || now > g.activeUntil then Failure(NotYourTurn)
    else Success(g.(activeQuestion := Some(q), activeUntil := now + g.options.maxAnswerTime))
  }

  /** Once a question is asked at `now`, every participant sees only its
      title until the answer window closes at `now + MaxAnswerTime`, and the
      whole question from then on, for as long as it stays open. */
  lemma AskedQuestionRevealedAtDeadline(g: Game, q: Question, now: int, playerId: int, t: int)
    requires Ask(g, q, now).Success? && playerId in g.players
    ensures t < now + g.options.maxAnswerTime ==>
              ActiveQuestion(Ask(g, q, now).value, playerId, t) == Success(Question(0, q.title, 0, 0))
    ensures t >= now + g.options.maxAnswerTime ==>
              ActiveQuestion(Ask(g, q, now).value, playerId, t) == Success(q)
  {
  }

  /** `AskQuestionAsync`: only the asked game changes. */
  function AskQuestion(s: Service, gameId: int, q: Question, now: int): (r: Result<Service>)
    ensures FindPlayer(s.players, q.playerId).None? ==> r == Failure(PlayerNotFound)
    ensures FindPlayer(s.players, q.playerId).Some? && !(0 <= gameId < |s.games|) ==> r == Failure(GameNotFound)
    ensures FindPlayer(s.players, q.playerId).Some? && 0 <= gameId < |s.games| ==>
              var a := Ask(s.games[gameId], q, now);
              && (a.Failure? ==> r == Failure(a.error))
              && (a.Success? ==> r == Success(s.(games := s.games[gameId := a.value])))
  {
    var _ :- FindPlayer(s.players, q.playerId).ToResult(PlayerNotFound);
    var g :- GetGame(s, gameId);
    var g' :- Ask(g, q, now);
    Success(s.(games := s.games[gameId := g']))
  }

  // ---------------------------------------------------------------- answers

  /** What a submitter learns: the asker and the correct value. */
  function Reply(g: Game): Answer
    requires g.activeQuestion.Some?
  {
    Answer(0, g.activePlayer, g.activeQuestion.value.answer, 0, 0)
  }

  /** Submitting, exactly as written: a participant other than the asker is
      refused once the deadline has passed (submitting exactly at the
      deadline is in time) and otherwise has the answer recorded with
      submit time `now`; the asker's own submission is not recorded. The
      reply then reads the active question, and when there is none the
      service fails on a null reference AFTER having recorded the answer.
      So this returns the outcome together with the game as it is left. */
  function SubmitAsWritten(g: Game, a: Answer, now: int): (r: (Result<Answer>, Game))
    ensures a.playerId !in g.players ==> r == (Failure(NotYourGame), g)
    ensures a.playerId in g.players && g.state != Contracts.Active ==> r == (Failure(NotActiveGame), g)
    ensures a.playerId in g.players && g.state == Contracts.Active && a.playerId != g.activePlayer && now > g.activeUntil ==>
              r == (Failure(TooLate), g)
    ensures a.playerId in g.players && g.state == Contracts.Active && (a.playerId == g.activePlayer || now <= g.activeUntil) ==>
              && r.1 == g.(answers := if a.playerId == g.activePlayer then g.answers else g.answers + [a.(submitTime := now)])
              && r.0 == (if g.activeQuestion.Some? then Success(Reply(g)) else Failure(NullReference))
  {
    if a.playerId !in g.players then (Failure(NotYourGame), g)
    else if g.state != Contracts.Active then (Failure(NotActiveGame), g)
    else if g.activePlayer != a.playerId && now > g.activeUntil then (Failure(TooLate), g)
    else
      var g' := if g.activePlayer != a.playerId then g.(answers := g.answers + [a.(submitTime := now)]) else g;
      match g.activeQuestion
      case None => (Failure(NullReference), g')
      case Some(_) => (Success(Reply(g)), g')
  }

  /** Submitting with the missing-question case refused before anything is
      recorded (see README, Findings); otherwise the same as
      `SubmitAsWritten`. The asker's own submission is never recorded, and
      any other accepted submission is appended as exactly one answer. */
  function Submit(g: Game, a: Answer, now: int): (r: Result<(Game, Answer)>)
    ensures r.Failure? <==>
              || a.playerId !in g.players
              || g.state != Contracts.Active
              || (a.playerId != g.activePlayer && now > g.activeUntil)
              || g.activeQuestion.None?
    ensures a.playerId !in g.players ==> r == Failure(NotYourGame)
    ensures a.playerId in g.players && g.state != Contracts.Active ==> r == Failure(NotActiveGame)
    ensures a.playerId in g.players && g.state == Contracts.Active && a.playerId != g.activePlayer && now > g.activeUntil ==>
              r == Failure(TooLate)
    ensures r.Success? && a.playerId == g.activePlayer ==> r.value.0 == g
    ensures r.Success? && a.playerId != g.activePlayer ==>
              r.value.0 == g.(answers := g.answers + [a.(submitTime := now)])
    ensures r.Success? ==> r.value.1.playerId == g.activePlayer && r.value.1.value == g.activeQuestion.value.answer
    ensures r.Success? ==> r == Success((SubmitAsWritten(g, a, now).1, SubmitAsWritten(g, a, now).0.value))
  {
    if a.playerId !in g.players then Failure(NotYourGame)
    else if g.state != Contracts.Active then Failure(NotActiveGame)
    else if g.activePlayer != a.playerId && now > g.activeUntil then Failure(TooLate)
    else if g.activeQuestion.None? then Failure(NoActiveQuestion)
    else
      var g' := if g.activePlayer != a.playerId then g.(answers := g.answers + [a.(submitTime := now)]) else g;
      Success((g', Reply(g)))
  }

  /** `SubmitAnswerAsync` with the corrected submission: only the game
      answered changes. */
  function SubmitAnswer(s: Service, gameId: int, a: Answer, now: int): (r: Result<(Service, Answer)>)
    ensures FindPlayer(s.players, a.playerId).None? ==> r == Failure(PlayerNotFound)
    ensures FindPlayer(s.players, a.playerId).Some? && !(0 <= gameId < |s.games|) ==> r == Failure(GameNotFound)
    ensures FindPlayer(s.players, a.playerId).Some? && 0 <= gameId < |s.games| ==>
              var u := Submit(s.games[gameId], a, now);
              && (u.Failure? ==> r == Failure(u.error))
              && (u.Success? ==> r == Success((s.(games := s.games[gameId := u.value.0]), u.value.1)))
  {
    var _ :- FindPlayer(s.players, a.playerId).ToResult(PlayerNotFound);
    var g :- GetGame(s, gameId);
    var u :- Submit(g, a, now);
    Success((s.(games := s.games[gameId := u.0]), u.1))
  }

  // ------------------------------------------------------------------ board

  /** `GetBoardAsync`: the stored leaderboard, with no evaluation first. */
  function GetBoard(s: Service, gameId: int): (r: Result<LeaderBoard>)
    ensures r.Success? <==> 0 <= gameId < |s.games|
    ensures r.Success? ==> r.value == s.games[gameId].board
    ensures r.Failure? ==> r.error == GameNotFound
  {
    var g :- GetGame(s, gameId);
    Success(g.board)
  }
}
