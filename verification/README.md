# SharpJack game engine in Dafny

SharpJack is a multiplayer trivia game. Players register, one of them
creates a game, and the others join it. Once the creator starts the game, the
participants take turns asking a question whose answer is a number. The other
participants submit guesses before a deadline. A background engine then
ranks the guesses by closeness, adds the scores to the leaderboard and hands
the turn to the next participant. After the configured number of rounds the
game is completed.

This project models the engine's core (`GameService`) and the field mappings
between its records and the public contract shapes (`ConverterExtensions`).
Everything is written as pure functions over immutable datatypes:

- `outcomes.dfy`: `Result`/`Option` and the service's failure conditions.
  Each thrown exception becomes a `Failure`.
- `contracts.dfy`, `models.dfy`: the contract and model records.
  `Game.players` holds participant ids, as the service uses it.
- `converters.dfy`: the model/contract conversions and the registry search
  `FindPlayer` (`FirstOrDefault`).
- `ranking.dfy`: the stable ranking of answers by distance from the correct
  value (LINQ `OrderBy`).
- `scoring.dfy`: answer scores and the leaderboard update.
- `evaluation.dfy`: one evaluation step of the background engine for one
  game. It closes and scores the question, rotates the turn, counts rounds and
  completes the game.
- `gameservice.dfy`: the player registry, the game store and every
  client-facing operation.
- `invariants.dfy`: the game and service invariants, and proofs that every
  operation preserves them.
- `scenarios.dfy`: the two-player unit test and single-operation
  examples, replayed as lemmas.
- `manyplayers.dfy`: the five-player unit test, replayed question by
  question.

The clock is an explicit parameter `now`, in whole seconds. Each operation
returns the new state instead of mutating shared lists. A failed operation
leaves the state unchanged, except `SubmitAsWritten` (see Findings).

## Model

| member | source | states |
|---|---|---|
| Converters.AnswerToContract | Samples/SharpJack/SharpJackApi/Utilities/ConverterExtensions.cs:11-14 | A client sees exactly the player and the value of an answer. |
| Converters.AnswerToModel | Samples/SharpJack/SharpJackApi/Utilities/ConverterExtensions.cs:16-19 | A client answer converts back to itself through the contract. The question id, submit time and score are left at their defaults. |
| Converters.AnswerModelRoundTrip | Samples/SharpJack/SharpJackApi/Utilities/ConverterExtensions.cs:11-19 | A model answer survives model→contract→model if and only if its question id, submit time and score are defaults. Nothing else is copied. |
| Converters.QuestionToContract | Samples/SharpJack/SharpJackApi/Utilities/ConverterExtensions.cs:46-49 | The contract question carries the title, the answer and the asker. |
| Converters.QuestionToModel | Samples/SharpJack/SharpJackApi/Utilities/ConverterExtensions.cs:51-54 | A client question converts back to itself through the contract. The model id is the default. |
| Converters.PlayerToContract | Samples/SharpJack/SharpJackApi/Utilities/ConverterExtensions.cs:59-62 | The contract player has the same id and name. |
| Converters.PlayerToContractInjective | Samples/SharpJack/SharpJackApi/Utilities/ConverterExtensions.cs:59-62 | Two players convert to the same contract player exactly when they are equal. |
| Converters.GameToContract | Samples/SharpJack/SharpJackApi/Utilities/ConverterExtensions.cs:24-33 | The public game view copies the id, the options, the state, the active player and the deadline. |
| Converters.GameToContractHidesInternals | Samples/SharpJack/SharpJackApi/Utilities/ConverterExtensions.cs:24-33 | Two games have the same public view if and only if they agree on those five fields. The question, answers, participants, board and round never show. |
| Converters.FindPlayer | Samples/SharpJack/SharpJackApi/Services/GameService.cs:38-42 | The registry search returns the first player with the id. It returns nothing exactly when no registered player has that id. |
| Converters.BoardToContract | Samples/SharpJack/SharpJackApi/Utilities/ConverterExtensions.cs:38-41 | One contract row per model row, in the same order, with the same score and the registered player's name. It fails exactly when some row's player is not registered. |
| Ranking.OrderByClosenessIsStableSort | Samples/SharpJack/SharpJackApi/Services/GameService.cs:213 | The ranking holds the same answers, ordered from closest to farthest. Answers at equal distance stay in submission order. |
| Ranking.RankedUnique | Samples/SharpJack/SharpJackApi/Services/GameService.cs:213 | Any two orderings that are sorted by distance and agree on the order within each distance are equal. So the stable ranking is the only correct result. |
| Scoring.ScoreFrom | Samples/SharpJack/SharpJackApi/Services/GameService.cs:214-219 | The counting-down loop in closed form: the i-th answer scores count − i plus its whole seconds before the deadline. Nothing else changes. |
| Scoring.ScoreAnswers | Samples/SharpJack/SharpJackApi/Services/GameService.cs:213-219 | The scored list is the submitted answers in their stable ranking (`OrderByCloseness`), position by position, with only the score changed. The k-th of n (1-based) scores n − k + 1 plus its time bonus. |
| Scoring.CloserAnswerScoresHigher | Samples/SharpJack/SharpJackApi/Services/GameService.cs:213-219 | A strictly closer answer submitted no later scores strictly more. |
| Scoring.AnsweredAfterScoring | Samples/SharpJack/SharpJackApi/Services/GameService.cs:213-219 | Ranking and scoring keep every player's answers: a player answered before scoring if and only if they answered after. |
| Scoring.FirstBy | Samples/SharpJack/SharpJackApi/Services/GameService.cs:227 | Returns the position of the player's first answer in ranked order. Returns nothing exactly when the player gave no answer. |
| Scoring.UpdateRows | Samples/SharpJack/SharpJackApi/Services/GameService.cs:221-229 | Rows keep their number, order and players. The asker's row is unchanged. Every other row gains its player's best-ranked answer score. It fails exactly when a non-asking row's player did not answer. |
| Evaluation.CloseQuestion | Samples/SharpJack/SharpJackApi/Services/GameService.cs:210-236 | With no open question the game is unchanged. Otherwise the answers and question are dropped and the rows are updated by score. It fails exactly when some non-asker stayed silent. |
| Evaluation.AdvanceTurn | Samples/SharpJack/SharpJackApi/Services/GameService.cs:238-254 | The turn passes to a participant (id + 1 used as an index). The next deadline is now + MaxQuestionTime. The round goes up exactly when the turn lands on the first participant. The game completes exactly when the round equals MaxRounds. |
| Evaluation.Evaluate | Samples/SharpJack/SharpJackApi/Services/GameService.cs:207-258 | A game that is not active or not past its deadline is untouched. Otherwise the step leaves no question, a participant to ask, and a state that is Active or Completed (Completed iff the round equals MaxRounds). Answers are dropped only when a question was closed. |
| Evaluation.RotationFollowsJoinOrder | Samples/SharpJack/SharpJackApi/Services/GameService.cs:239 | When ids equal join positions, the turn goes to the next participant in join order, wrapping around. |
| Evaluation.RotationStallsWhenIdsDiffer | Samples/SharpJack/SharpJackApi/Services/GameService.cs:239 | With participants 0 and 2, participant 2 keeps the turn forever and the round never advances. |
| Evaluation.OneRoundEndsAfterEveryoneAsked | Samples/SharpJack/SharpJackApi/Services/GameService.cs:238-254 | In a one-round game with ids equal to positions, started with participant 0 asking: after k < n turn changes participant k asks and the game is Active. After n changes it is Completed. |
| GameService.AddPlayer | Samples/SharpJack/SharpJackApi/Services/GameService.cs:24-29 | The new player gets id = registry size, so ids run 0, 1, 2, …. The id was unused before and can be found afterwards. Games are untouched. |
| GameService.GetPlayer | Samples/SharpJack/SharpJackApi/Services/GameService.cs:31-34 | An index lookup that fails with PlayerNotFound exactly when the id is out of range. |
| GameService.GetPlayerFindsById | Samples/SharpJack/SharpJackApi/Services/GameService.cs:24-42 | With ids handed out by AddPlayer, the index lookup and the search by id agree. |
| GameService.GetGame | Samples/SharpJack/SharpJackApi/Services/GameService.cs:51-54 | An index lookup that fails with GameNotFound exactly when the id is out of range. |
| GameService.CreateGame | Samples/SharpJack/SharpJackApi/Services/GameService.cs:36-49 | Fails with PlayerNotFound exactly for an unknown creator. Otherwise it appends a Created game with id = game count, the creator as the only participant and one zero-score row. |
| GameService.JoinOrStart | Samples/SharpJack/SharpJackApi/Services/GameService.cs:63-92 | The checks run in order: Completed → GameOver; more participants than MaxPlayers → GameFull; creator with fewer than 2 → TooFewPlayers. Creator start resets the turn (even for an Active game). A newcomer is appended with one zero row, and a repeat join is a no-op. At most MaxPlayers + 1 participants. |
| GameService.JoinOrStartGame | Samples/SharpJack/SharpJackApi/Services/GameService.cs:56-95 | PlayerNotFound, then GameNotFound. Only the addressed game changes. |
| GameService.ActiveQuestion | Samples/SharpJack/SharpJackApi/Services/GameService.cs:104-123 | The errors in order: NotYourGame, NotActiveGame, NoActiveQuestion. Before the deadline only the title is returned, the answer hidden. From the deadline on, the whole question is returned. |
| GameService.GetActiveQuestion | Samples/SharpJack/SharpJackApi/Services/GameService.cs:97-126 | PlayerNotFound, then GameNotFound. No state changes. |
| GameService.Ask | Samples/SharpJack/SharpJackApi/Services/GameService.cs:135-152 | Fails exactly for a non-participant, an inactive game, someone else's turn or a passed deadline. Otherwise it stores the question and sets the deadline to now + MaxAnswerTime. |
| GameService.AskQuestion | Samples/SharpJack/SharpJackApi/Services/GameService.cs:128-155 | PlayerNotFound, then GameNotFound. Only the addressed game changes. |
| GameService.SubmitAsWritten | Samples/SharpJack/SharpJackApi/Services/GameService.cs:164-189 | A late non-asker gets TooLate (the deadline itself is in time). A timely non-asker's answer is appended, stamped with now. The asker's answer is not recorded. With no question the call fails after recording. |
| GameService.Submit | Samples/SharpJack/SharpJackApi/Services/GameService.cs:164-189 | The same checks as SubmitAsWritten, but with no question it fails before recording anything. It otherwise agrees with SubmitAsWritten, and returns the asker and the correct value. |
| GameService.SubmitAnswer | Samples/SharpJack/SharpJackApi/Services/GameService.cs:157-192 | The service call with the corrected submission (`Submit`): PlayerNotFound, then GameNotFound. Only the addressed game changes. |
| GameService.GetBoard | Samples/SharpJack/SharpJackApi/Services/GameService.cs:194-197 | Returns the stored leaderboard, without evaluating first. Fails exactly for an unknown game. |
| GameService.AskedQuestionRevealedAtDeadline | Samples/SharpJack/SharpJackApi/Services/GameService.cs:120-152 | After a question is asked at `now`, every participant who fetches it strictly before now + MaxAnswerTime gets only its title, and from that instant on the whole question. |
| Invariants.OneRowPerParticipant | Samples/SharpJack/SharpJackApi/Services/GameService.cs:44-91 | In a well-formed game every participant has exactly one row and every row belongs to a participant. |
| Invariants.NewGameWf | Samples/SharpJack/SharpJackApi/Services/GameService.cs:44-46 | A created game is well formed and in state Created. |
| Invariants.JoinOrStartPreservesWf | Samples/SharpJack/SharpJackApi/Services/GameService.cs:63-92 | Join/start keeps the game well formed and moves the state forward only. |
| Invariants.AskPreservesWf | Samples/SharpJack/SharpJackApi/Services/GameService.cs:135-152 | Asking keeps the game well formed and its state. |
| Invariants.SubmitPreservesWf | Samples/SharpJack/SharpJackApi/Services/GameService.cs:164-189 | The corrected submission keeps the game well formed, including "no answers while no question". |
| Invariants.EvaluatePreservesWf | Samples/SharpJack/SharpJackApi/Services/GameService.cs:207-254 | An evaluation step keeps the game well formed and moves Active to Active or Completed. |
| Invariants.CompletedIsFinal | Samples/SharpJack/SharpJackApi/Services/GameService.cs:56-207 | A Completed game refuses join (GameOver), ask and submit (NotActiveGame), and is never evaluated again. |
| Invariants.StrayAnswerOutlivesEvaluation | Samples/SharpJack/SharpJackApi/Services/GameService.cs:174-189 | As written, a submission with no question breaks well-formedness. The stray answer survives the next evaluation. |
| Invariants.HandlePreservesValid | Samples/SharpJack/SharpJackApi/Services/GameService.cs:24-254 | With the corrected submission, every request keeps the service valid (ids = positions, games well formed, participants registered). No game is removed, and no state moves backwards, so none returns to Created. |
| Invariants.StoredBoardConverts | Samples/SharpJack/SharpJackApi/Services/GameService.cs:194-197 | In a valid service, the board of every stored game has one row per participant, in join order, and converts to the contract board with each row named after its registered player. |
| Invariants.OverfullGameStaysInLobby | Samples/SharpJack/SharpJackApi/Services/GameService.cs:68-71 | A Created game with more participants than MaxPlayers is still Created and still over-full after any request, so its creator can never start it. |
| Invariants.EmptyServiceValid | Samples/SharpJack/SharpJackApi/Services/GameService.cs:16-17 | The empty registry and store are valid. |
| Scenarios.TwoPlayerSetup | Samples/SharpJack/SharpJackApi.UnitTests/SharpJackApiUnitTests.cs:11-15 | Registering Ben, creating the game, registering Jake and joining gives ids 0 and 1 and the lobby game. |
| Scenarios.TwoPlayerFirstQuestion | Samples/SharpJack/SharpJackApi.UnitTests/SharpJackApiUnitTests.cs:15-19 | Ben starts and asks, and Jake answers 5 to 7. After one second Jake has 2, Ben 0, and it is Jake's turn. |
| Scenarios.TwoPlayerSecondQuestion | Samples/SharpJack/SharpJackApi.UnitTests/SharpJackApiUnitTests.cs:21-25 | Jake asks and Ben answers 180 to 176. After one second Ben has 2 and the game is Completed. |
| Scenarios.CreatorAloneCannotStart | Samples/SharpJack/SharpJackApi/Services/GameService.cs:72-78 | A creator alone gets TooFewPlayers. |
| Scenarios.AnswerDeadlineIsInclusive | Samples/SharpJack/SharpJackApi/Services/GameService.cs:175-185 | An answer at the deadline is accepted. One second later it gets TooLate. |
| Scenarios.FullGameAdmitsOneMore | Samples/SharpJack/SharpJackApi/Services/GameService.cs:68-71 | A game for two players admits a third participant, and only the fourth is refused. With three participants the creator's start is refused with GameFull. |
| ManyPlayers.SubmitEachRecords | Samples/SharpJack/SharpJackApi/Services/GameService.cs:164-189 | While a question is open, in-time guesses by participants other than the asker are appended in submission order, each stamped with the submission instant. |
| ManyPlayers.BoardFromRanking | Samples/SharpJack/SharpJackApi/Services/GameService.cs:213-229 | Four answers submitted one second before the deadline and ranked in a given order move each non-asker's score up by 5 − k, where k (from 0) is the rank of their answer. The asker's score stays. |
| ManyPlayers.PucciniRanking | Samples/SharpJack/SharpJackApi.UnitTests/SharpJackApiUnitTests.cs:41-45 | The first question's guesses rank Niles, Daphne, Fred, Martin. Daphne (3) stays before the equally close Fred (5). |
| ManyPlayers.IqRanking | Samples/SharpJack/SharpJackApi.UnitTests/SharpJackApiUnitTests.cs:52-56 | The second question's guesses rank Martin, Daphne, Fred, Frasier. |
| ManyPlayers.ArmyRanking | Samples/SharpJack/SharpJackApi.UnitTests/SharpJackApiUnitTests.cs:63-67 | The third question's guesses rank Daphne, Frasier, Niles, Fred. Frasier (18) stays before the equally close Niles (20). |
| ManyPlayers.BrothersRanking | Samples/SharpJack/SharpJackApi.UnitTests/SharpJackApiUnitTests.cs:74-78 | The fourth question's guesses rank Niles, Frasier, Martin, Fred. Martin (10) stays before the equally close Fred (6). |
| ManyPlayers.AppearancesRanking | Samples/SharpJack/SharpJackApi.UnitTests/SharpJackApiUnitTests.cs:85-89 | The fifth question's guesses rank Frasier, Niles, Martin, Daphne. Niles (8) stays before the equally close Martin (10). |
| ManyPlayers.NextTurn | Samples/SharpJack/SharpJackApi/Services/GameService.cs:135-254 | A turn (ask, four guesses in the same second, evaluation one second later) asked by any participant but the last ends with the board moved by the scores and the next participant asking, in the same round. |
| ManyPlayers.LastTurn | Samples/SharpJack/SharpJackApi/Services/GameService.cs:135-254 | The last participant's turn hands the turn back to the first participant, which ends the only round and completes the game. |
| ManyPlayers.PucciniTurn | Samples/SharpJack/SharpJackApi.UnitTests/SharpJackApiUnitTests.cs:41-50 | After the first question the scores are Frasier 0, Niles 5, Martin 2, Daphne 4, Fred 3, and Niles asks next. |
| ManyPlayers.IqTurn | Samples/SharpJack/SharpJackApi.UnitTests/SharpJackApiUnitTests.cs:52-61 | After the second question the scores are 2, 5, 7, 8, 6, and Martin asks next. |
| ManyPlayers.ArmyTurn | Samples/SharpJack/SharpJackApi.UnitTests/SharpJackApiUnitTests.cs:63-72 | After the third question the scores are 6, 8, 7, 13, 8, and Daphne asks next. |
| ManyPlayers.BrothersTurn | Samples/SharpJack/SharpJackApi.UnitTests/SharpJackApiUnitTests.cs:74-83 | After the fourth question the scores are 10, 13, 10, 13, 10, and Fred asks next. |
| ManyPlayers.AppearancesTurn | Samples/SharpJack/SharpJackApi.UnitTests/SharpJackApiUnitTests.cs:85-94 | After the fifth question the scores are 15, 17, 13, 15, 10 and the game is Completed. |
| ManyPlayers.FivePlayerGame | Samples/SharpJack/SharpJackApi.UnitTests/SharpJackApiUnitTests.cs:30-97 | The whole test: Frasier starts the full lobby, the five questions are asked one second apart in join order, and the game ends Completed with the scores the test asserts. |

## Left out

- The background loop in `RunAsync` (lines 199-204 and 257) is not modelled: the one-second sleep, the cancellation token, the `EvaluationCompleted` event and the scan over all games. This is scheduling and concurrency, so only the per-game step (`Evaluation.Evaluate`) is modelled.
- The source has no synchronisation: the engine's `foreach (var game in games)` (line 204) and `game.Answers.OrderBy` (line 213) run concurrently with request handlers that call `games.Add` (line 47) and `game.Answers.Add` (line 184). The model treats each request and each evaluation step as atomic, so it says nothing about interleavings, including the ordering of the `State = Active` write at line 86 that the code comments on.
- The wall clock (`TimeService`'s fallback to `DateTime.UtcNow`) is replaced by the integer parameter `now`. `DateTime` instants become whole seconds, so the sub-second part that `(int)…TotalSeconds` truncates is not modelled. The default `DateTime` of a new game becomes 0.
- 32-bit integer arithmetic is not modelled, because Dafny integers are unbounded. In the source, `value - correct`, `ActivePlayer + 1` (line 239) and score sums can wrap, and `Math.Abs(int.MinValue)` throws.
- Evaluation.CloseQuestion: when a row's player gave no answer, the source has already added scores to the earlier rows before `First` throws, and the exception ends the background loop. The model reports `NoAnswer` and keeps the game unchanged.
- GameService.SubmitAnswer: wraps the corrected `Submit`. The as-written submission, which records the answer and then fails when no question is open, is modelled only at game level, in `GameService.SubmitAsWritten`, and its consequence in `Invariants.StrayAnswerOutlivesEvaluation`.
- The source mutates the caller's answer object when it sets `SubmitTime`, and the per-answer `Score` writes are discarded with the answers. Object identity and aliasing are not modelled.
- `GameOptions.MaxActiveTime` is carried but unused, as in the source.
- The LeaderBoard conversion reads `r.Player.Name`, but `Models/LeaderBoard.cs` gives a row only a `PlayerId`. The name is therefore looked up in the player registry by id.
- Five behaviours of the code are modelled as written, although a client might expect otherwise. `GetBoard` (lines 194-197) returns the stored board and does not run an evaluation first. `GetActiveQuestion` (line 123) returns the whole question, answer included, from the deadline on. The asker's row gains nothing (line 225). Answers at equal distance keep submission order, because `OrderBy` is stable (line 213). Repeated answers from one player are all kept and ranked, and only the best-ranked one counts (line 227).
- Persistence (EF Core context and migrations), HTTP controllers and clients, and the unrelated browser and Azure scripts are not part of this model.
- The unit tests' harness (`TestGame`, its fake clock and its waits for evaluation) is not modelled. `Scenarios` and `ManyPlayers` replay the tests' games with the instants the harness produces: answers in the asking second and evaluation one second later.

## Findings

| source | as written | input that shows it | evidently intended | confidence | as-written member | corrected member |
|---|---|---|---|---|---|---|
| Samples/SharpJack/SharpJackApi/Services/GameService.cs:174-189 | The answer of a participant other than the asker is appended before the reply reads `ActiveQuestion.Answer`. With no open question the call throws a null reference after the answer is recorded. | An active game in its asking phase (no question). A participant other than the asker submits before the deadline. The game keeps an answer with no question, the next evaluation does not clear it, and it is ranked with the next question's answers (`Invariants.StrayAnswerOutlivesEvaluation`). | Refuse the submission with "No active question" before recording anything, so answers exist only while a question is open (`Invariants.SubmitPreservesWf`). | medium; not executed | GameService.SubmitAsWritten | GameService.Submit |
