/** The invariants the engine keeps over a game and over the whole service,
    and the proofs that every operation preserves them. */
module Invariants {
  import opened Outcomes
  import opened Models
  import Contracts
  import opened Converters
  import opened GameService
  import opened Evaluation

  /** A well-formed game: the creator is the first participant, nobody takes
      part twice, the leaderboard has one row per participant in join order,
      there are no answers while no question is open, and while the game is
      active the turn belongs to a participant. */
  ghost predicate Wf(g: Game) {
    && |g.players| > 0
    && g.players[0] == g.options.playerId
    && Distinct(g.players)
    && |g.board.rows| == |g.players|
    && (forall i :: 0 <= i < |g.players| ==> g.board.rows[i].playerId == g.players[i])
    && (g.activeQuestion.None? ==> g.answers == [])
    && (g.state == Contracts.Active ==> g.activePlayer in g.players)
  }

  /** The lifecycle moves forward only: Created, then Active, then Completed. */
  predicate Advances(a: Contracts.GameState, b: Contracts.GameState) {
    a == b || (a == Contracts.Created && b == Contracts.Active) || (a == Contracts.Active && b == Contracts.Completed)
  }

  /** The player ids of the leaderboard rows, in order. */
  function RowIds(rows: seq<Row>): (r: seq<nat>)
    ensures |r| == |rows| && forall i :: 0 <= i < |rows| ==> r[i] == rows[i].playerId
  {
    if |rows| == 0 then [] else [rows[0].playerId] + RowIds(rows[1..])
  }

  lemma {:induction false} DistinctOccursOnce(s: seq<nat>, x: nat)
    requires Distinct(s) && x in s
    ensures multiset(s)[x] == 1
    decreases |s|
  {
    assert s == [s[0]] + s[1..];
    assert Distinct(s[1..]);
    if s[0] == x {
      assert x !in s[1..];
    } else {
      DistinctOccursOnce(s[1..], x);
    }
  }

  /** In a well-formed game every participant has exactly one leaderboard
      row and every row belongs to a participant. */
  lemma OneRowPerParticipant(g: Game)
    requires Wf(g)
    ensures forall p :: p in g.players ==> multiset(RowIds(g.board.rows))[p] == 1
    ensures forall i :: 0 <= i < |g.board.rows| ==> g.board.rows[i].playerId in g.players
  {
    assert RowIds(g.board.rows) == g.players;
    forall p | p in g.players ensures multiset(RowIds(g.board.rows))[p] == 1 {
      DistinctOccursOnce(g.players, p);
    }
  }

  // --------------------------------------------------- game-level steps

  /** A created game is well formed. */
  lemma NewGameWf(id: nat, options: Contracts.GameOptions, creator: nat)
    requires creator == options.playerId
    ensures Wf(NewGame(id, options, creator))
    ensures NewGame(id, options, creator).state == Contracts.Created
  {
  }

  /** Joining or starting keeps the game well formed: a second join by the
      same participant adds no row, and starting hands the turn to the
      creator. */
  lemma JoinOrStartPreservesWf(g: Game, playerId: nat, now: int)
    requires Wf(g) && JoinOrStart(g, playerId, now).Success?
    ensures Wf(JoinOrStart(g, playerId, now).value)
    ensures Advances(g.state, JoinOrStart(g, playerId, now).value.state)
  {
    var g' := JoinOrStart(g, playerId, now).value;
    if playerId != g.options.playerId && playerId !in g.players {
      assert forall i :: 0 <= i < |g.players| ==> g'.players[i] == g.players[i];
      assert g'.players[|g.players|] == playerId;
    }
  }

  lemma AskPreservesWf(g: Game, q: Question, now: int)
    requires Wf(g) && Ask(g, q, now).Success?
    ensures Wf(Ask(g, q, now).value)
    ensures Advances(g.state, Ask(g, q, now).value.state)
  {
  }

  /** The corrected submission never records an answer while no question is
      open, so the game stays well formed. */
  lemma SubmitPreservesWf(g: Game, a: Answer, now: int)
    requires Wf(g) && Submit(g, a, now).Success?
    ensures Wf(Submit(g, a, now).value.0)
    ensures Advances(g.state, Submit(g, a, now).value.0.state)
  {
  }

  /** An evaluation step keeps the game well formed: rows stay one per
      participant, answers go away with the question, and the turn passes to
      a participant. */
  lemma EvaluatePreservesWf(g: Game, now: int)
    requires Wf(g) && Evaluate(g, now).Success?
    ensures Wf(Evaluate(g, now).value)
    ensures Advances(g.state, Evaluate(g, now).value.state)
  {
    if Due(g, now) {
      var g' := Evaluate(g, now).value;
      if g.activeQuestion.Some? {
        var c := CloseQuestion(g).value;
        assert forall i :: 0 <= i < |g.players| ==> c.board.rows[i].playerId == g.players[i];
      }
    }
  }

  /** A completed game is final: joining fails with "Game over", asking and
      answering fail with "Not an active game", and evaluation leaves it
      alone. */
  lemma CompletedIsFinal(g: Game, playerId: nat, q: Question, a: Answer, now: int)
    requires g.state == Contracts.Completed
    ensures JoinOrStart(g, playerId, now) == Failure(GameOver)
    ensures Ask(g, q, now).Failure?
    ensures q.playerId in g.players ==> Ask(g, q, now) == Failure(NotActiveGame)
    ensures Submit(g, a, now).Failure?
    ensures a.playerId in g.players ==> Submit(g, a, now) == Failure(NotActiveGame)
    ensures Evaluate(g, now) == Success(g)
  {
  }

  // ------------------------------------------------------- the finding

  /** As written, a submission while no question is open records the answer
      before failing, which leaves a well-formed game with an answer but no
      question. The evaluation step only clears answers when it closes a
      question, so the stray answer survives it and is ranked with the
      answers to the next question. */
  lemma StrayAnswerOutlivesEvaluation(g: Game, a: Answer, now: int)
    requires Wf(g) && g.state == Contracts.Active && g.activeQuestion.None?
    requires a.playerId in g.players && a.playerId != g.activePlayer && now <= g.activeUntil
    ensures SubmitAsWritten(g, a, now).0 == Failure(NullReference)
    ensures !Wf(SubmitAsWritten(g, a, now).1)
    ensures SubmitAsWritten(g, a, now).1.answers == [a.(submitTime := now)]
    ensures Evaluate(SubmitAsWritten(g, a, now).1, g.activeUntil).Success?
    ensures Evaluate(SubmitAsWritten(g, a, now).1, g.activeUntil).value.answers == [a.(submitTime := now)]
  {
    var g' := SubmitAsWritten(g, a, now).1;
    assert g'.answers == [a.(submitTime := now)];
    assert Due(g', g.activeUntil);
  }

  // -------------------------------------------------------- the service

  /** A game stored at position `i` of a service with `registered` players. */
  ghost predicate StoredGameValid(g: Game, i: nat, registered: nat) {
    && g.id == i
    && Wf(g)
    && forall k :: 0 <= k < |g.players| ==> g.players[k] < registered
  }

  /** The service invariant: player and game ids are their positions, every
      game is well formed, and every participant is a registered player. */
  ghost predicate Valid(s: Service) {
    && IdsArePositions(s.players)
    && forall i :: 0 <= i < |s.games| ==> StoredGameValid(s.games[i], i, |s.players|)
  }

  /** In a valid service the stored leaderboard of every game has one row
      per participant in join order, and it always converts to its public
      form: the `PlayerNotFound` failure of the conversion cannot occur, and
      row i carries the name of participant i. */
  lemma StoredBoardConverts(s: Service, gameId: int)
    requires Valid(s) && 0 <= gameId < |s.games|
    ensures GetBoard(s, gameId).Success?
    ensures var b, g := GetBoard(s, gameId).value, s.games[gameId];
            && |b.rows| == |g.players|
            && (forall i :: 0 <= i < |b.rows| ==> b.rows[i].playerId == g.players[i])
            && BoardToContract(b, s.players).Success?
            && forall i :: 0 <= i < |b.rows| ==>
                 g.players[i] < |s.players|
                 && BoardToContract(b, s.players).value.rows[i].playerName == s.players[g.players[i]].name
  {
    var g := s.games[gameId];
    assert StoredGameValid(g, gameId, |s.players|);
    forall i | 0 <= i < |g.board.rows|
      ensures FindPlayer(s.players, g.board.rows[i].playerId) == Some(s.players[g.players[i]])
    {
      var pid := g.players[i];
      assert s.players[pid].id == pid;
    }
  }

  /** The requests a client or the engine makes of the service. */
  datatype Request =
    | AddPlayerRequest(name: string)
    | CreateGameRequest(options: Contracts.GameOptions)
    | JoinOrStartRequest(gameId: int, playerId: int)
    | AskRequest(gameId: int, question: Question)
    | SubmitRequest(gameId: int, answer: Answer)
    | EvaluateRequest(gameId: int)

  /** The service after one request at instant `now`. */
  function Handle(s: Service, req: Request, now: int): Result<Service> {
    match req
    case AddPlayerRequest(name) => Success(AddPlayer(s, name).0)
    case CreateGameRequest(options) =>
      var created :- CreateGame(s, options);
      Success(created.0)
    case JoinOrStartRequest(gameId, playerId) => JoinOrStartGame(s, gameId, playerId, now)
    case AskRequest(gameId, q) => AskQuestion(s, gameId, q, now)
    case SubmitRequest(gameId, a) =>
      var submitted :- SubmitAnswer(s, gameId, a, now);
      Success(submitted.0)
    case EvaluateRequest(gameId) =>
      var g :- GetGame(s, gameId);
      var g' :- Evaluate(g, now);
      Success(s.(games := s.games[gameId := g']))
  }

  /** Replacing one stored game by a well-formed successor keeps the service
      valid. */
  lemma ReplaceGameKeepsValid(s: Service, gameId: int, g': Game)
    requires Valid(s) && 0 <= gameId < |s.games|
    requires g'.id == s.games[gameId].id && Wf(g')
    requires forall k :: 0 <= k < |g'.players| ==> g'.players[k] < |s.players|
    ensures Valid(s.(games := s.games[gameId := g']))
  {
    var s' := s.(games := s.games[gameId := g']);
    forall i | 0 <= i < |s'.games| ensures StoredGameValid(s'.games[i], i, |s'.players|) {
      if i != gameId {
        assert s'.games[i] == s.games[i];
        assert StoredGameValid(s.games[i], i, |s.players|);
      }
    }
  }

  /** Every request keeps the service valid, never removes a game, and moves
      each game's lifecycle forward only; in particular no game ever returns
      to Created. */
  lemma HandlePreservesValid(s: Service, req: Request, now: int)
    requires Valid(s) && Handle(s, req, now).Success?
    ensures var s' := Handle(s, req, now).value;
            && Valid(s')
            && |s'.games| >= |s.games|
            && forall i :: 0 <= i < |s.games| ==> Advances(s.games[i].state, s'.games[i].state)
  {
    var s' := Handle(s, req, now).value;
    match req
    case AddPlayerRequest(name) =>
      forall i | 0 <= i < |s'.games| ensures StoredGameValid(s'.games[i], i, |s'.players|) {
        assert StoredGameValid(s.games[i], i, |s.players|);
      }
    case CreateGameRequest(options) =>
      var p := FindPlayer(s.players, options.playerId).value;
      NewGameWf(|s.games|, options, p.id);
      forall i | 0 <= i < |s'.games| ensures StoredGameValid(s'.games[i], i, |s'.players|) {
        if i < |s.games| {
          assert s'.games[i] == s.games[i];
          assert StoredGameValid(s.games[i], i, |s.players|);
        }
      }
    case JoinOrStartRequest(gameId, playerId) =>
      var p := FindPlayer(s.players, playerId).value;
      var g := s.games[gameId];
      assert StoredGameValid(g, gameId, |s.players|);
      JoinOrStartPreservesWf(g, p.id, now);
      var g' := JoinOrStart(g, p.id, now).value;
      ReplaceGameKeepsValid(s, gameId, g');
    case AskRequest(gameId, q) =>
      var g := s.games[gameId];
      assert StoredGameValid(g, gameId, |s.players|);
      AskPreservesWf(g, q, now);
      ReplaceGameKeepsValid(s, gameId, Ask(g, q, now).value);
    case SubmitRequest(gameId, a) =>
      var g := s.games[gameId];
      assert StoredGameValid(g, gameId, |s.players|);
      SubmitPreservesWf(g, a, now);
      ReplaceGameKeepsValid(s, gameId, Submit(g, a, now).value.0);
    case EvaluateRequest(gameId) =>
      var g := s.games[gameId];
      assert StoredGameValid(g, gameId, |s.players|);
      EvaluatePreservesWf(g, now);
      ReplaceGameKeepsValid(s, gameId, Evaluate(g, now).value);
  }

  /** The "game full" check refuses once participants EXCEED the maximum
      and comes before the creator's start, so a game that admitted
      MaxPlayers + 1 participants before it started can never leave the
      lobby: every request leaves it Created and over-full. */
  lemma OverfullGameStaysInLobby(s: Service, req: Request, now: int, gameId: nat)
    requires Valid(s) && Handle(s, req, now).Success? && gameId < |s.games|
    requires s.games[gameId].state == Contracts.Created
    requires |s.games[gameId].players| > s.games[gameId].options.maxPlayers
    ensures gameId < |Handle(s, req, now).value.games|
    ensures var g' := Handle(s, req, now).value.games[gameId];
            && g'.state == Contracts.Created
            && |g'.players| > g'.options.maxPlayers
  {
    HandlePreservesValid(s, req, now);
  }

  /** A service with no players and no games is valid. */
  lemma EmptyServiceValid()
    ensures Valid(Service([], []))
  {
  }
}
